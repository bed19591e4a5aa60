/**
 A book decides into how many matches an order's quantity falls. Filling one quantity in any number
 of slices at one price and funding index gives the same size and the same realized PnL, and loses
 at most one unit of rounding per extra slice on the entry price and on the margin locked. This is about
 the fold of one position held in memory; SweepSlicing takes it through the cache and the chain.
 */
module FillSplitting {
  import opened Arithmetic
  import opened PositionFolding
  import opened Primitives

  type Qty = q: u64 | q > 0 witness 1

  function Total(qs: seq<Qty>): nat {
    if qs == [] then 0 else qs[0] + Total(qs[1..])
  }

  function Slices(f: Fill, qs: seq<Qty>): (fills: seq<Fill>)
    ensures |fills| == |qs|
    ensures forall i :: 0 <= i < |qs| ==> fills[i] == f.(qty := qs[i])
  {
    if qs == [] then [] else [f.(qty := qs[0])] + Slices(f, qs[1..])
  }

  function Margin(o: Outcome): int {
    o.delta - o.realized
  }

  /** `many` differs from `one` only by up to `k` units of rounding, in the stated directions. */
  ghost predicate Refines(many: Outcome, one: Outcome, k: nat) {
    && many.position.signedSize == one.position.signedSize
    && many.realized == one.realized
    && one.position.entryPrice - k <= many.position.entryPrice <= one.position.entryPrice
    && Abs(many.position.entryFunding - one.position.entryFunding) <= k
    && Margin(one) - k <= Margin(many) <= Margin(one)
  }

  // ---- Two slices ----

  lemma ClosingSplits(s: int, isBuy: bool, a: nat, b: nat)
    ensures var s' := s + Directed(isBuy, a);
      && ClosingQty(s, isBuy, a + b) == ClosingQty(s, isBuy, a) + ClosingQty(s', isBuy, b)
      && OpeningQty(s, isBuy, a + b) == OpeningQty(s, isBuy, a) + OpeningQty(s', isBuy, b)
      && (OpeningQty(s, isBuy, a) > 0 ==> ClosingQty(s', isBuy, b) == 0)
  {}

  /** What is left of the old side when a fill starts to open. */
  function Rest(s: int, isBuy: bool, qty: nat): int {
    s - Directed(s >= 0, ClosingQty(s, isBuy, qty))
  }

  lemma RestSplits(s: int, isBuy: bool, a: nat, b: nat)
    ensures var s', o := s + Directed(isBuy, a), OpeningQty(s, isBuy, a);
      && (o > 0 ==> Rest(s, isBuy, a + b) == Rest(s, isBuy, a))
      && (o > 0 ==> Abs(Rest(s', isBuy, b)) == Abs(Rest(s, isBuy, a)) + o)
      && (o == 0 ==> Rest(s', isBuy, b) == Rest(s, isBuy, a + b))
  {}

  lemma EntryAfter(p: Position, f: Fill)
    ensures var q, rest := Applied(p, f).position, Rest(p.signedSize, f.isBuy, f.qty);
      var o := OpeningQty(p.signedSize, f.isBuy, f.qty);
      if o == 0 then q.entryPrice == p.entryPrice && q.entryFunding == p.entryFunding
      else && q.entryPrice == BlendPrice(Abs(rest), p.entryPrice, o, f.price)
           && q.entryFunding == BlendFunding(Abs(rest), p.entryFunding, o, f.funding)
  {
    hide Applied;
    AppliedEntry(p, f);
  }

  lemma PnlSplits(p: Position, a: nat, b: nat, price: u64, funding: int)
    ensures Pnl(p, a + b, price, funding) == Pnl(p, a, price, funding) + Pnl(p, b, price, funding)
  {
    var long := p.signedSize >= 0;
    var x, y := price - p.entryPrice, funding - p.entryFunding;
    assert Directed(long, a + b) == Directed(long, a) + Directed(long, b);
    assert Directed(long, a + b) * x == Directed(long, a) * x + Directed(long, b) * x;
    assert Directed(long, a + b) * y == Directed(long, a) * y + Directed(long, b) * y;
  }

  lemma MarginSplits(tick: u64, a: nat, b: nat, leverage: u64)
    ensures RequiredMargin(tick, a + b, leverage) - 1
            <= RequiredMargin(tick, a, leverage) + RequiredMargin(tick, b, leverage)
            <= RequiredMargin(tick, a + b, leverage)
    ensures RequiredMargin(tick, 0, leverage) == 0
  {
    var rate := MarginRateBps(leverage);
    assert tick * (a + b) * rate == tick * a * rate + tick * b * rate by {
      assert tick * (a + b) == tick * a + tick * b;
    }
    DivSplit(tick * a * rate, tick * b * rate, BPS_DENOMINATOR);
  }

  lemma BlendTwice(n: nat, entry: u64, a: nat, b: nat, price: u64)
    requires a > 0
    ensures BlendPrice(n, entry, a + b, price) - 1
            <= BlendPrice(n + a, BlendPrice(n, entry, a, price), b, price)
            <= BlendPrice(n, entry, a + b, price)
  {
    var first := BlendPrice(n, entry, a, price);
    var total := n * entry + (a + b) * price;
    var lost := n * entry + a * price - (n + a) * first;
    assert (n + a) * first + b * price == total - lost by {
      assert (a + b) * price == a * price + b * price;
    }
    DivLoss(total, lost, n + a + b);
  }

  lemma BlendFundingTwice(n: nat, entry: int, a: nat, b: nat, funding: int)
    requires a > 0
    ensures Abs(BlendFunding(n + a, BlendFunding(n, entry, a, funding), b, funding)
                - BlendFunding(n, entry, a + b, funding)) <= 1
  {
    var first := BlendFunding(n, entry, a, funding);
    var total := entry * n + funding * (a + b);
    var lost := entry * n + funding * a - first * (n + a);
    assert first * (n + a) + funding * b == total - lost by {
      assert funding * (a + b) == funding * a + funding * b;
    }
    TruncLoss(total, lost, n + a + b);
  }

  lemma EntrySplits(p: Position, f: Fill, a: Qty, b: Qty)
    requires f.qty == a + b
    ensures var one, mid := Applied(p, f).position, Applied(p, f.(qty := a)).position;
      var two := Applied(mid, f.(qty := b)).position;
      && one.entryPrice - 1 <= two.entryPrice <= one.entryPrice
      && Abs(two.entryFunding - one.entryFunding) <= 1
  {
    hide Applied, BlendPrice, BlendFunding, Rest, OpeningQty, ClosingQty;
    var mid := Applied(p, f.(qty := a)).position;
    EntryAfter(p, f);
    EntryAfter(p, f.(qty := a));
    EntryAfter(mid, f.(qty := b));
    ClosingSplits(p.signedSize, f.isBuy, a, b);
    RestSplits(p.signedSize, f.isBuy, a, b);
    var rest := Rest(p.signedSize, f.isBuy, a);
    var o1, o2 := OpeningQty(p.signedSize, f.isBuy, a), OpeningQty(mid.signedSize, f.isBuy, b);
    if o1 > 0 {
      BlendTwice(Abs(rest), p.entryPrice, o1, o2, f.price);
      BlendFundingTwice(Abs(rest), p.entryFunding, o1, o2, f.funding);
    }
  }

  lemma MoneySplits(p: Position, f: Fill, a: Qty, b: Qty)
    requires f.qty == a + b
    ensures var one, first := Applied(p, f), Applied(p, f.(qty := a));
      var second := Applied(first.position, f.(qty := b));
      && first.realized + second.realized == one.realized
      && Margin(one) - 1 <= Margin(first) + Margin(second) <= Margin(one)
  {
    hide Applied, RequiredMargin, Pnl, BlendPrice, BlendFunding;
    var mid := Applied(p, f.(qty := a)).position;
    ClosingSplits(p.signedSize, f.isBuy, a, b);
    var c1, c2 := ClosingQty(p.signedSize, f.isBuy, a), ClosingQty(mid.signedSize, f.isBuy, b);
    var o1, o2 := OpeningQty(p.signedSize, f.isBuy, a), OpeningQty(mid.signedSize, f.isBuy, b);
    AppliedMoney(p, f);
    AppliedMoney(p, f.(qty := a));
    AppliedMoney(mid, f.(qty := b));
    AppliedEntry(p, f.(qty := a));
    PnlSplits(p, c1, c2, f.price, f.funding);
    PnlOfRemainder(p, mid, c2, f.price, f.funding);
    MarginSplits(f.price, o1, o2, p.leverage);
  }

  lemma PnlOfRemainder(p: Position, q: Position, c: nat, price: u64, funding: int)
    ensures c == 0 ==> Pnl(q, c, price, funding) == 0
    ensures (&& q.entryPrice == p.entryPrice && q.entryFunding == p.entryFunding
             && (q.signedSize >= 0 <==> p.signedSize >= 0))
            ==> Pnl(q, c, price, funding) == Pnl(p, c, price, funding)
  {}

  lemma AppliedMoney(p: Position, f: Fill)
    ensures var o := Applied(p, f);
      && o.realized == Pnl(p, ClosingQty(p.signedSize, f.isBuy, f.qty), f.price, f.funding)
      && Margin(o) == RequiredMargin(f.price, OpeningQty(p.signedSize, f.isBuy, f.qty), p.leverage)
  {
    hide Pnl, BlendPrice, BlendFunding;
  }

  // ---- Any number of slices ----

  lemma RefinesTrans(x: Outcome, y: Outcome, z: Outcome, k: nat)
    requires Refines(x, y, k) && Refines(y, z, 1)
    ensures Refines(x, z, k + 1)
  {}

  /** However a quantity is sliced: same size, same realized PnL, and at most one unit lost per extra slice. */
  lemma {:induction false} SlicingIsHarmless(p: Position, f: Fill, qs: seq<Qty>)
    requires qs != [] && Total(qs) == f.qty
    ensures Refines(Run(p, Slices(f, qs)), Applied(p, f), |qs| - 1)
    decreases |qs|
  {
    hide Applied, Refines;
    var first := Applied(p, f.(qty := qs[0]));
    assert Slices(f, qs)[1..] == Slices(f, qs[1..]);
    if |qs| == 1 {
      assert Run(first.position, []) == Outcome(first.position, 0, 0);
      SameOutcome(p, f);
    } else {
      var rest: Qty := f.qty - qs[0];
      var g := f.(qty := rest);
      SlicingIsHarmless(first.position, g, qs[1..]);
      TwoSlices(p, f, qs[0], rest);
      Prepend(first, Run(first.position, Slices(g, qs[1..])), Applied(first.position, g), |qs| - 2);
      SlicesOnlyNeedQuantities(f, g, qs[1..]);
      RefinesTrans(Run(p, Slices(f, qs)), After(first, Applied(first.position, g)), Applied(p, f), |qs| - 2);
    }
  }

  function After(first: Outcome, second: Outcome): Outcome {
    Outcome(second.position, first.delta + second.delta, first.realized + second.realized)
  }

  lemma SameOutcome(p: Position, f: Fill)
    ensures Refines(After(Applied(p, f), Outcome(Applied(p, f).position, 0, 0)), Applied(p, f), 0)
  {
    hide Applied;
  }

  lemma Prepend(first: Outcome, many: Outcome, one: Outcome, k: nat)
    requires Refines(many, one, k)
    ensures Refines(After(first, many), After(first, one), k)
  {}

  lemma TwoSlices(p: Position, f: Fill, a: Qty, b: Qty)
    requires f.qty == a + b
    ensures var first := Applied(p, f.(qty := a));
      Refines(After(first, Applied(first.position, f.(qty := b))), Applied(p, f), 1)
  {
    hide Applied;
    EntrySplits(p, f, a, b);
    MoneySplits(p, f, a, b);
  }

  lemma {:induction false} SlicesOnlyNeedQuantities(f: Fill, g: Fill, qs: seq<Qty>)
    requires f.isBuy == g.isBuy && f.price == g.price && f.funding == g.funding
    ensures Slices(f, qs) == Slices(g, qs)
  {
    if qs != [] {
      SlicesOnlyNeedQuantities(f, g, qs[1..]);
    }
  }

  // ---- Take-profit and stop-loss thresholds ----

  predicate NoStops(p: Position) {
    p.takeProfit == None && p.stopLoss == None
  }

  /** One fill clears the thresholds exactly when it flips the side. */
  lemma StopsAfter(p: Position, f: Fill)
    ensures var q, flips := Applied(p, f).position, Opposes(p.signedSize, f.isBuy) && f.qty > Abs(p.signedSize);
      && q.takeProfit == (if flips then None else p.takeProfit)
      && q.stopLoss == if flips then None else p.stopLoss
  {
    hide BlendPrice, BlendFunding, RequiredMargin, Pnl;
  }
}
