/**
 Conservation of cash for one position. Buying pays `qty * price` and selling receives it, exactly;
 the kernel only keeps an averaged, rounded entry. The ledger bounds how far the two can drift apart.
 */
module CashLedger {
  import opened Arithmetic
  import opened PositionFolding
  import opened Primitives

  /** What the position cost on the kernel's books: size times rounded entry. */
  function SpotBook(p: Position): int {
    p.signedSize * p.entryPrice
  }

  function FundingBook(p: Position): int {
    p.signedSize * p.entryFunding
  }

  function SpotRealized(p: Position, f: Fill): int {
    SpotPnl(p, ClosingQty(p.signedSize, f.isBuy, f.qty), f.price)
  }

  function FundingRealized(p: Position, f: Fill): int {
    FundingPnl(p, ClosingQty(p.signedSize, f.isBuy, f.qty), f.funding)
  }

  function SpotCash(f: Fill): int {
    -(f.Signed() * f.price)
  }

  function FundingCash(f: Fill): int {
    -(f.Signed() * f.funding)
  }

  predicate Adds(p: Position, f: Fill) {
    p.signedSize != 0 && !Opposes(p.signedSize, f.isBuy)
  }

  /** The units of rounding one fill may cost: only enlarging an open position rounds at all. */
  function AddSlack(p: Position, f: Fill): nat {
    if Adds(p, f) then Abs(p.signedSize) + f.qty - 1 else 0
  }

  function SpotDrift(p: Position, f: Fill): int {
    SpotRealized(p, f) - (SpotBook(Applied(p, f).position) - SpotBook(p)) - SpotCash(f)
  }

  function FundingDrift(p: Position, f: Fill): int {
    FundingRealized(p, f) - (FundingBook(Applied(p, f).position) - FundingBook(p)) - FundingCash(f)
  }

  lemma Distribute(a: int, b: int, x: int)
    ensures (a + b) * x == a * x + b * x && (a - b) * x == a * x - b * x
    ensures x * (a - b) == x * a - x * b && (0 - a) * x == 0 - a * x
  {}

  /** What is lost when `rest` units at `entry` and `o` units at `mark` are booked at one rounded average. */
  function Remainder(rest: int, o: int, entry: int, mark: int, blended: int): int {
    entry * Abs(rest) + mark * o - blended * (Abs(rest) + o)
  }

  /**
   Closing `d` units (signed) out of `s` and then opening `o` on side `long` at the same mark:
   realized PnL, book value and cash cancel except for the remainder of the new average.
   */
  lemma LegDrift(s: int, d: int, long: bool, o: int, entry: int, mark: int, blended: int)
    requires long ==> s - d >= 0
    requires !long ==> s - d <= 0
    ensures var rest, signed := s - d, Directed(long, o) - d;
      d * (mark - entry) - ((s + signed) * blended - s * entry) + signed * mark
      == Directed(long, Remainder(rest, o, entry, mark, blended))
  {
    var rest, dir := s - d, Directed(long, o);
    Distribute(mark, entry, d);
    Distribute(s, d, entry);
    Distribute(dir, d, mark);
    assert s + (dir - d) == rest + dir;
    if long {
      Distribute(rest, o, blended);
    } else {
      Distribute(-rest, o, blended);
      Distribute(o, 0, mark);
      Distribute(-rest, 0, entry);
      Distribute(-rest + o, 0, blended);
    }
  }

  lemma NothingRounded(rest: int, entry: int, mark: int)
    ensures Remainder(rest, 0, entry, mark, entry) == 0
  {}

  lemma FreshRemainder(o: int, entry: int, mark: int)
    ensures Remainder(0, o, entry, mark, mark) == 0
  {}

  lemma RemainderIs(rest: int, o: int, entry: int, mark: int, blended: int)
    ensures Remainder(rest, o, entry, mark, blended) == Abs(rest) * entry + o * mark - (Abs(rest) + o) * blended
  {}

  lemma BlendRemainder(rest: int, o: nat, p: Position, price: u64, funding: int)
    requires o > 0
    ensures 0 <= Remainder(rest, o, p.entryPrice, price, BlendPrice(Abs(rest), p.entryPrice, o, price)) < Abs(rest) + o
    ensures Abs(Remainder(rest, o, p.entryFunding, funding, BlendFunding(Abs(rest), p.entryFunding, o, funding)))
            < Abs(rest) + o
    ensures rest == 0 ==> Remainder(rest, o, p.entryPrice, price, BlendPrice(Abs(rest), p.entryPrice, o, price)) == 0
    ensures rest == 0 ==>
      Remainder(rest, o, p.entryFunding, funding, BlendFunding(Abs(rest), p.entryFunding, o, funding)) == 0
  {
    hide BlendPrice, BlendFunding, Remainder;
    var e, g := BlendPrice(Abs(rest), p.entryPrice, o, price), BlendFunding(Abs(rest), p.entryFunding, o, funding);
    RemainderIs(rest, o, p.entryPrice, price, e);
    RemainderIs(rest, o, p.entryFunding, funding, g);
    FreshRemainder(o, p.entryPrice, price);
    FreshRemainder(o, p.entryFunding, funding);
  }

  /** Only an add to an open position leaves a remainder, and it is smaller than the new size. */
  lemma RemainderBound(p: Position, f: Fill, rest: int, o: nat)
    requires o == OpeningQty(p.signedSize, f.isBuy, f.qty)
    requires rest == p.signedSize - Directed(p.signedSize >= 0, ClosingQty(p.signedSize, f.isBuy, f.qty))
    ensures var q := Applied(p, f).position;
      && 0 <= Remainder(rest, o, p.entryPrice, f.price, q.entryPrice) <= AddSlack(p, f)
      && Abs(Remainder(rest, o, p.entryFunding, f.funding, q.entryFunding)) <= AddSlack(p, f)
  {
    hide Applied, Remainder, BlendPrice, BlendFunding;
    AppliedEntry(p, f);
    if o == 0 {
      NothingRounded(rest, p.entryPrice, f.price);
      NothingRounded(rest, p.entryFunding, f.funding);
    } else {
      BlendRemainder(rest, o, p, f.price, f.funding);
    }
  }

  /** Closes and flips are exact; an add drifts in the position's own direction, by less than its new size. */
  lemma StepDrift(p: Position, f: Fill)
    ensures Abs(SpotDrift(p, f)) <= AddSlack(p, f)
    ensures Abs(FundingDrift(p, f)) <= AddSlack(p, f)
    ensures Adds(p, f) ==> 0 <= Directed(p.signedSize >= 0, SpotDrift(p, f))
  {
    var c, o := ClosingQty(p.signedSize, f.isBuy, f.qty), OpeningQty(p.signedSize, f.isBuy, f.qty);
    var d := Directed(p.signedSize >= 0, c);
    var q := Applied(p, f).position;
    var long := if o > 0 then f.isBuy else p.signedSize >= 0;
    hide Applied, Remainder;
    RemainderBound(p, f, p.signedSize - d, o);
    LegDrift(p.signedSize, d, long, o, p.entryPrice, f.price, q.entryPrice);
    LegDrift(p.signedSize, d, long, o, p.entryFunding, f.funding, q.entryFunding);
  }

  /** The drift of an add is what the floored average leaves over, in the position's own direction. */
  lemma AddDriftIsRemainder(p: Position, f: Fill)
    requires Adds(p, f)
    ensures var n, total := Abs(p.signedSize) + f.qty, Abs(p.signedSize) * p.entryPrice + f.qty * f.price;
      SpotDrift(p, f) == Directed(p.signedSize >= 0, total % n)
  {
    var c, o := ClosingQty(p.signedSize, f.isBuy, f.qty), OpeningQty(p.signedSize, f.isBuy, f.qty);
    assert c == 0 && o == f.qty && f.isBuy == (p.signedSize >= 0);
    hide Applied, Remainder, BlendPrice, BlendFunding;
    var q := Applied(p, f).position;
    AppliedEntry(p, f);
    LegDrift(p.signedSize, 0, f.isBuy, f.qty, p.entryPrice, f.price, q.entryPrice);
    RemainderIs(p.signedSize, f.qty, p.entryPrice, f.price, q.entryPrice);
    BlendRemainderIs(Abs(p.signedSize), p.entryPrice, f.qty, f.price);
  }

  /**
   The funding drift of an add is what the average rounded toward zero leaves over: it has the sign of the total,
   seen from the position's own side, and vanishes exactly when the new size divides the total.
   */
  lemma FundingDriftIsTowardZero(p: Position, f: Fill)
    requires Adds(p, f)
    ensures var n, total := Abs(p.signedSize) + f.qty, p.entryFunding * Abs(p.signedSize) + f.funding * f.qty;
      var drift := Directed(p.signedSize >= 0, FundingDrift(p, f));
      && (total >= 0 ==> 0 <= drift < n) && (total <= 0 ==> -n < drift <= 0)
      && (FundingDrift(p, f) == 0 <==> total % n == 0)
  {
    var c := ClosingQty(p.signedSize, f.isBuy, f.qty);
    assert c == 0 && f.isBuy == (p.signedSize >= 0);
    hide Applied, Remainder, BlendPrice, BlendFunding;
    var q, n := Applied(p, f).position, Abs(p.signedSize) + f.qty;
    var total := p.entryFunding * Abs(p.signedSize) + f.funding * f.qty;
    AppliedEntry(p, f);
    LegDrift(p.signedSize, 0, f.isBuy, f.qty, p.entryFunding, f.funding, q.entryFunding);
    RemainderIs(p.signedSize, f.qty, p.entryFunding, f.funding, q.entryFunding);
    BlendFundingTowardZero(Abs(p.signedSize), p.entryFunding, f.qty, f.funding);
    SmallRemainder(total, n, q.entryFunding);
  }

  lemma SmallRemainder(total: int, n: int, g: int)
    requires n > 0 && Abs(total - g * n) < n
    ensures total - g * n == 0 <==> total % n == 0
  {
    if total % n == 0 {
      DivBounds(total, n);
      assert total == (total / n) * n + total % n;
      if g < total / n {
        MulLe(g + 1, total / n, n);
      } else if g > total / n {
        MulLe(total / n + 1, g, n);
      }
    } else if total == g * n {
      QuotientIs(total, n, g);
    }
  }

  lemma BlendRemainderIs(n: nat, entry: u64, qty: nat, price: u64)
    requires n + qty > 0
    ensures var total := n * entry + qty * price;
      total - (n + qty) * BlendPrice(n, entry, qty, price) == total % (n + qty)
  {}

  /** One fill conserves cash exactly if and only if it does not add, or the new size divides the total cost. */
  lemma SpotDriftIsExactIff(p: Position, f: Fill)
    ensures SpotDrift(p, f) == 0 <==>
      || !Adds(p, f)
      || (Abs(p.signedSize) * p.entryPrice + f.qty * f.price) % (Abs(p.signedSize) + f.qty) == 0
  {
    if Adds(p, f) {
      AddDriftIsRemainder(p, f);
    } else {
      StepDrift(p, f);
    }
    hide SpotDrift;
  }

  // ---- Whole runs ----

  /** Everything a run of fills adds up to. */
  datatype Tally = Tally(spotRealized: int, fundingRealized: int, spotCash: int, fundingCash: int, slack: nat)

  function RunTally(p: Position, fills: seq<Fill>): Tally
    decreases |fills|
  {
    if fills == [] then Tally(0, 0, 0, 0, 0) else
    var f := fills[0];
    var t := RunTally(Applied(p, f).position, fills[1..]);
    Tally(SpotRealized(p, f) + t.spotRealized, FundingRealized(p, f) + t.fundingRealized,
          SpotCash(f) + t.spotCash, FundingCash(f) + t.fundingCash, AddSlack(p, f) + t.slack)
  }

  lemma {:induction false} RealizedIsSpotPlusFunding(p: Position, fills: seq<Fill>)
    ensures Run(p, fills).realized == RunTally(p, fills).spotRealized + RunTally(p, fills).fundingRealized
    decreases |fills|
  {
    if fills != [] {
      RealizedIsSpotPlusFunding(Applied(p, fills[0]).position, fills[1..]);
    }
  }

  ghost predicate Conserves(realized: int, bookChange: int, cash: int, slack: int) {
    Abs(realized - bookChange - cash) <= slack
  }

  /** Realized PnL, minus the change in book value, is the cash that moved, up to the rounding of the adds. */
  lemma {:induction false} CashIsConserved(p: Position, fills: seq<Fill>)
    ensures var t, q := RunTally(p, fills), Run(p, fills).position;
      && Conserves(t.spotRealized, SpotBook(q) - SpotBook(p), t.spotCash, t.slack)
      && Conserves(t.fundingRealized, FundingBook(q) - FundingBook(p), t.fundingCash, t.slack)
    decreases |fills|
  {
    hide SpotBook, FundingBook, SpotRealized, FundingRealized, SpotCash, FundingCash, AddSlack, Applied;
    if fills != [] {
      StepConserves(p, fills[0]);
      CashIsConserved(Applied(p, fills[0]).position, fills[1..]);
    }
  }

  lemma StepConserves(p: Position, f: Fill)
    ensures var q := Applied(p, f).position;
      && Conserves(SpotRealized(p, f), SpotBook(q) - SpotBook(p), SpotCash(f), AddSlack(p, f))
      && Conserves(FundingRealized(p, f), FundingBook(q) - FundingBook(p), FundingCash(f), AddSlack(p, f))
  {
    StepDrift(p, f);
    hide SpotBook, FundingBook, SpotRealized, FundingRealized, SpotCash, FundingCash, AddSlack, Applied;
  }

  /** Realized plus unrealized PnL at any mark is the exact PnL of the trades, up to the same rounding. */
  lemma MarkToMarket(leverage: u64, fills: seq<Fill>, mark: u64)
    ensures var t, q := RunTally(Flat(leverage), fills), Run(Flat(leverage), fills).position;
      Abs(t.spotRealized + SpotPnl(q, Abs(q.signedSize), mark) - (t.spotCash + q.signedSize * mark)) <= t.slack
  {
    var p := Flat(leverage);
    var q := Run(p, fills).position;
    CashIsConserved(p, fills);
    assert Directed(q.signedSize >= 0, Abs(q.signedSize)) == q.signedSize;
    Distribute(mark, q.entryPrice, q.signedSize);
  }

  lemma NoBook(p: Position)
    requires p.signedSize == 0
    ensures SpotBook(p) == 0 && FundingBook(p) == 0
  {}

  /** From flat to flat the whole realized PnL is the cash received, within twice the adds' rounding. */
  lemma FlatToFlat(leverage: u64, fills: seq<Fill>)
    requires NetSigned(fills) == 0
    ensures var t := RunTally(Flat(leverage), fills);
      Abs(Run(Flat(leverage), fills).realized - (t.spotCash + t.fundingCash)) <= 2 * t.slack
  {
    var p := Flat(leverage);
    RunSize(p, fills);
    NoBook(p);
    NoBook(Run(p, fills).position);
    hide SpotBook, FundingBook, Run, RunTally, Applied;
    CashIsConserved(p, fills);
    RealizedIsSpotPlusFunding(p, fills);
  }

  // ---- The bound is attained ----

  /** The first unit opens at `x`, the second at `x + 1` is averaged down to `x`, and both close at `x + 1`. */
  function UpAndOut(x: u64): seq<Fill>
    requires x + 1 < 0x1_0000_0000_0000_0000
  {
    [Fill(true, x, 1, 0), Fill(true, x + 1, 1, 0), Fill(false, x + 1, 2, 0)]
  }

  lemma OneFill(p: Position, f: Fill, more: seq<Fill>)
    ensures var fills, q, t := [f] + more, Applied(p, f).position, RunTally(Applied(p, f).position, more);
      && RunTally(p, fills).spotRealized == SpotRealized(p, f) + t.spotRealized
      && RunTally(p, fills).spotCash == SpotCash(f) + t.spotCash
      && RunTally(p, fills).slack == AddSlack(p, f) + t.slack
  {
    hide Applied, SpotRealized, SpotCash, AddSlack;
    assert ([f] + more)[1..] == more;
  }

  /** One add costs a whole unit at any price, exactly the bound: two units of PnL are realized from one of cash. */
  lemma RoundingIsReal(leverage: u64, x: u64)
    requires x + 1 < 0x1_0000_0000_0000_0000
    ensures NetSigned(UpAndOut(x)) == 0
    ensures var t := RunTally(Flat(leverage), UpAndOut(x)); t.spotRealized == 2 && t.spotCash == 1 && t.slack == 1
  {
    hide Applied, BlendPrice, BlendFunding, RunTally;
    var fills := UpAndOut(x);
    var a, b, c := fills[0], fills[1], fills[2];
    var p0 := Flat(leverage);
    var p1 := Applied(p0, a).position;
    var p2 := Applied(p1, b).position;
    AppliedEntry(p0, a);
    AppliedEntry(p1, b);
    AveragesDown(x);
    assert fills == [a] + ([b] + ([c] + []));
    OneFill(p0, a, [b] + ([c] + []));
    OneFill(p1, b, [c] + []);
    OneFill(p2, c, []);
    EmptyTally(Applied(p2, c).position);
    assert NetSigned(fills[1..][1..]) == c.Signed() + NetSigned([]);
  }

  lemma AveragesDown(x: u64)
    requires x + 1 < 0x1_0000_0000_0000_0000
    ensures BlendPrice(1, x, 1, x + 1) == x
  {}

  lemma EmptyTally(p: Position)
    ensures RunTally(p, []) == Tally(0, 0, 0, 0, 0)
  {}
}
