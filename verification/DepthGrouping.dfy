/**
 Merging the price levels of one side of the book into coarser buckets, on the server and, as a mirror,
 in the browser.
 */
module DepthGrouping {
  import opened Arithmetic
  import opened Primitives

  datatype PriceLevel = PriceLevel(tick: nat, qty: nat, cumulative: nat)

  function Bucket(tick: nat, group: nat): (b: nat)
    requires group > 0
    ensures b <= tick < b + group && b % group == 0
  {
    DivBounds(tick, group);
    BucketIsMultiple(tick / group, group);
    (tick / group) * group
  }

  lemma BucketIsMultiple(k: nat, group: nat)
    requires group > 0
    ensures (k * group) % group == 0 && (k * group) / group == k
  {
    QuotientIs(k * group, group, k);
  }

  function TotalQty(levels: seq<PriceLevel>): nat {
    if levels == [] then 0 else TotalQty(levels[..|levels| - 1]) + levels[|levels| - 1].qty
  }

  /** One more raw level: into the last bucket if it is the level's own, else into a new one. */
  function Merged(out: seq<PriceLevel>, bucket: nat, qty: nat, cumulative: nat): seq<PriceLevel> {
    var n := |out|;
    if n > 0 && out[n - 1].tick == bucket
    then out[n - 1 := PriceLevel(bucket, out[n - 1].qty + qty, cumulative)]
    else out + [PriceLevel(bucket, qty, cumulative)]
  }

  function Buckets(levels: seq<PriceLevel>, group: nat): seq<PriceLevel>
    requires group > 0
  {
    if levels == [] then [] else
    var n := |levels| - 1;
    Merged(Buckets(levels[..n], group), Bucket(levels[n].tick, group), levels[n].qty, TotalQty(levels))
  }

  function Grouped(levels: seq<PriceLevel>, group: nat): seq<PriceLevel> {
    if group <= 1 then levels else Buckets(levels, group)
  }

  method GroupLevels(levels: seq<PriceLevel>, group: nat) returns (out: seq<PriceLevel>)
    ensures out == Grouped(levels, group)
  {
    hide Bucket, Buckets, TotalQty;
    if group <= 1 {
      return levels;
    }
    out := [];
    var cumulative := 0;
    NothingRaw(group);
    for i := 0 to |levels|
      invariant out == Buckets(levels[..i], group)
      invariant cumulative == TotalQty(levels[..i])
    {
      BucketsStep(levels, group, i);
      var level := levels[i];
      var bucket := (level.tick / group) * group;
      cumulative := cumulative + level.qty;
      if |out| > 0 && out[|out| - 1].tick == bucket {
        var last := out[|out| - 1];
        out := out[|out| - 1 := last.(qty := last.qty + level.qty, cumulative := cumulative)];
      } else {
        out := out + [PriceLevel(bucket, level.qty, cumulative)];
      }
    }
    assert levels[..|levels|] == levels;
  }

  // ---- What the buckets hold ----

  function QtyWithin(levels: seq<PriceLevel>, lo: nat, hi: nat): nat {
    if levels == [] then 0
    else QtyWithin(levels[..|levels| - 1], lo, hi)
         + if lo <= levels[|levels| - 1].tick < hi then levels[|levels| - 1].qty else 0
  }

  lemma QtyWithinLast(levels: seq<PriceLevel>, lo: nat, hi: nat)
    requires levels != []
    ensures var n := |levels| - 1;
      QtyWithin(levels, lo, hi)
      == QtyWithin(levels[..n], lo, hi) + if lo <= levels[n].tick < hi then levels[n].qty else 0
  {}

  /** Ticks all run one way: up on the ask side, down on the bid side. */
  ghost predicate Sorted(levels: seq<PriceLevel>, up: bool) {
    forall i, j :: 0 <= i < j < |levels| ==>
      if up then levels[i].tick <= levels[j].tick else levels[i].tick >= levels[j].tick
  }

  ghost predicate StrictlySorted(levels: seq<PriceLevel>, up: bool) {
    forall i, j :: 0 <= i < j < |levels| ==>
      if up then levels[i].tick < levels[j].tick else levels[i].tick > levels[j].tick
  }

  /** A bucket's cumulative figure is the quantity of all buckets up to and including it. */
  ghost predicate RunningTotals(levels: seq<PriceLevel>) {
    levels != [] ==>
      RunningTotals(levels[..|levels| - 1]) && levels[|levels| - 1].cumulative == TotalQty(levels)
  }

  /** Some raw level falls into the bucket that starts at `b`. */
  ghost predicate Occupied(b: nat, levels: seq<PriceLevel>, group: nat)
    requires group > 0
  {
    exists i :: 0 <= i < |levels| && Bucket(levels[i].tick, group) == b
  }

  ghost predicate HoldsItsRange(b: PriceLevel, levels: seq<PriceLevel>, group: nat)
    requires group > 0
  {
    b.tick % group == 0 && b.qty == QtyWithin(levels, b.tick, b.tick + group) && Occupied(b.tick, levels, group)
  }

  ghost predicate HasTick(out: seq<PriceLevel>, tick: nat) {
    exists j :: 0 <= j < |out| && out[j].tick == tick
  }

  /** Every bucket holds the quantity of its range, and every raw level has its bucket. */
  ghost predicate Partitions(out: seq<PriceLevel>, levels: seq<PriceLevel>, group: nat)
    requires group > 0
  {
    && (forall j :: 0 <= j < |out| ==> HoldsItsRange(out[j], levels, group))
    && (forall i :: 0 <= i < |levels| ==> HasTick(out, Bucket(levels[i].tick, group)))
  }

  lemma BucketMonotone(a: nat, b: nat, group: nat)
    requires group > 0 && a <= b
    ensures Bucket(a, group) <= Bucket(b, group)
  {
    DivMonotone(a, b, group);
    MulLe(a / group, b / group, group);
  }

  /** A tick lies in the range of a bucket exactly when the bucket is its own. */
  lemma InRangeIffBucket(tick: nat, b: nat, group: nat)
    requires group > 0 && b % group == 0
    ensures b <= tick < b + group <==> Bucket(tick, group) == b
  {
    if b <= tick < b + group {
      DivBounds(b, group);
      QuotientIs(tick, group, b / group);
    }
  }

  lemma {:induction false} NothingWithin(levels: seq<PriceLevel>, b: nat, group: nat)
    requires group > 0 && b % group == 0
    requires forall i :: 0 <= i < |levels| ==> Bucket(levels[i].tick, group) != b
    ensures QtyWithin(levels, b, b + group) == 0
  {
    if levels != [] {
      InRangeIffBucket(levels[|levels| - 1].tick, b, group);
      NothingWithin(levels[..|levels| - 1], b, group);
    }
  }

  /**
   The declarative specification, for either side of the book and any bucket width: bucket ticks strictly
   monotone, each bucket holding exactly the quantity of its range, cumulative figures the running totals.
   */
  lemma {:induction false} BucketsRepresentLevels(levels: seq<PriceLevel>, group: nat, up: bool)
    requires group > 0 && Sorted(levels, up)
    ensures var out := Buckets(levels, group);
      && StrictlySorted(out, up) && Partitions(out, levels, group)
      && RunningTotals(out) && TotalQty(out) == TotalQty(levels)
  {
    hide Bucket, Merged, QtyWithin;
    if levels != [] {
      var n := |levels| - 1;
      var out := Buckets(levels[..n], group);
      BucketsRepresentLevels(levels[..n], group, up);
      AddSorted(out, levels, group, up);
      AddRange(out, levels, group, up);
      AddTotals(out, Bucket(levels[n].tick, group), levels[n].qty, TotalQty(levels));
    }
  }

  function WithLast(out: seq<PriceLevel>, levels: seq<PriceLevel>, group: nat): seq<PriceLevel>
    requires group > 0 && levels != []
  {
    var level := levels[|levels| - 1];
    Merged(out, Bucket(level.tick, group), level.qty, TotalQty(levels))
  }

  lemma AddTotals(out: seq<PriceLevel>, bucket: nat, qty: nat, total: nat)
    requires RunningTotals(out) && total == TotalQty(out) + qty
    ensures var r := Merged(out, bucket, qty, total); RunningTotals(r) && TotalQty(r) == total
  {
    var r := Merged(out, bucket, qty, total);
    assert r[..|r| - 1] == if |r| == |out| then out[..|out| - 1] else out;
  }

  /** No earlier bucket lies beyond the new level's own. */
  lemma BucketsBehind(out: seq<PriceLevel>, levels: seq<PriceLevel>, group: nat, up: bool, j: nat)
    requires group > 0 && levels != [] && Sorted(levels, up) && j < |out|
    requires Partitions(out, levels[..|levels| - 1], group)
    ensures var b := Bucket(levels[|levels| - 1].tick, group); if up then out[j].tick <= b else out[j].tick >= b
  {
    hide QtyWithin, Bucket;
    var n := |levels| - 1;
    assert HoldsItsRange(out[j], levels[..n], group);
    var i :| 0 <= i < n && Bucket(levels[..n][i].tick, group) == out[j].tick;
    if up {
      BucketMonotone(levels[i].tick, levels[n].tick, group);
    } else {
      BucketMonotone(levels[n].tick, levels[i].tick, group);
    }
  }

  lemma AddSorted(out: seq<PriceLevel>, levels: seq<PriceLevel>, group: nat, up: bool)
    requires group > 0 && levels != [] && Sorted(levels, up) && StrictlySorted(out, up)
    requires Partitions(out, levels[..|levels| - 1], group)
    ensures StrictlySorted(WithLast(out, levels, group), up)
  {
    hide QtyWithin, Bucket, Partitions;
    if out != [] {
      BucketsBehind(out, levels, group, up, |out| - 1);
    }
  }

  lemma AddRange(out: seq<PriceLevel>, levels: seq<PriceLevel>, group: nat, up: bool)
    requires group > 0 && levels != [] && Sorted(levels, up) && StrictlySorted(out, up)
    requires Partitions(out, levels[..|levels| - 1], group)
    ensures Partitions(WithLast(out, levels, group), levels, group)
  {
    hide Bucket, QtyWithin;
    var n, r := |levels| - 1, WithLast(out, levels, group);
    var rest := levels[..n];
    forall j | 0 <= j < |r| ensures HoldsItsRange(r[j], levels, group) {
      if j < |out| {
        OldBucket(out, levels, group, up, j);
      } else {
        NewBucket(out, levels, group, up);
      }
    }
    forall i | 0 <= i < |levels| ensures HasTick(r, Bucket(levels[i].tick, group)) {
      if i < n {
        assert HasTick(out, Bucket(rest[i].tick, group));
        var j :| 0 <= j < |out| && out[j].tick == Bucket(rest[i].tick, group);
        assert r[j].tick == out[j].tick;
      } else {
        assert r[|r| - 1].tick == Bucket(levels[n].tick, group);
      }
    }
  }

  lemma OldBucket(out: seq<PriceLevel>, levels: seq<PriceLevel>, group: nat, up: bool, j: nat)
    requires group > 0 && levels != [] && Sorted(levels, up) && StrictlySorted(out, up) && j < |out|
    requires Partitions(out, levels[..|levels| - 1], group)
    ensures HoldsItsRange(WithLast(out, levels, group)[j], levels, group)
  {
    hide Bucket, QtyWithin;
    var n, m := |levels| - 1, |out|;
    QtyWithinLast(levels, out[j].tick, out[j].tick + group);
    var rest := levels[..n];
    assert HoldsItsRange(out[j], rest, group);
    var i :| 0 <= i < n && Bucket(rest[i].tick, group) == out[j].tick;
    assert Bucket(levels[i].tick, group) == out[j].tick;
    InRangeIffBucket(levels[n].tick, out[j].tick, group);
    BucketsBehind(out, levels, group, up, m - 1);
  }

  lemma NewBucket(out: seq<PriceLevel>, levels: seq<PriceLevel>, group: nat, up: bool)
    requires group > 0 && levels != [] && Sorted(levels, up) && StrictlySorted(out, up)
    requires Partitions(out, levels[..|levels| - 1], group)
    requires |WithLast(out, levels, group)| == |out| + 1
    ensures HoldsItsRange(WithLast(out, levels, group)[|out|], levels, group)
  {
    hide Bucket, QtyWithin;
    var n, m := |levels| - 1, |out|;
    QtyWithinLast(levels, Bucket(levels[n].tick, group), Bucket(levels[n].tick, group) + group);
    var rest, b := levels[..n], Bucket(levels[n].tick, group);
    InRangeIffBucket(levels[n].tick, b, group);
    forall i | 0 <= i < n ensures Bucket(rest[i].tick, group) != b {
      assert HasTick(out, Bucket(rest[i].tick, group));
      var k :| 0 <= k < m && out[k].tick == Bucket(rest[i].tick, group);
      BucketsBehind(out, levels, group, up, m - 1);
    }
    NothingWithin(rest, b, group);
  }

  /** What a depth request gets: its levels as they are for widths up to one, and their buckets from two on. */
  lemma GroupedRepresentsLevels(levels: seq<PriceLevel>, group: nat, up: bool)
    requires Sorted(levels, up)
    ensures group <= 1 ==> Grouped(levels, group) == levels
    ensures group >= 2 ==>
      var out := Grouped(levels, group);
      && StrictlySorted(out, up) && Partitions(out, levels, group)
      && RunningTotals(out) && TotalQty(out) == TotalQty(levels)
  {
    hide Buckets, StrictlySorted, Partitions, RunningTotals, TotalQty;
    if group >= 2 {
      BucketsRepresentLevels(levels, group, up);
    }
  }

  // ---- Grouping twice ----

  /** Coarse buckets of fine buckets are the coarse buckets of the ticks. */
  lemma BucketOfBucket(tick: nat, g: nat, k: nat)
    requires g > 0 && k > 0
    ensures k * g > 0 && Bucket(Bucket(tick, g), k * g) == Bucket(tick, k * g)
  {
    MulLe(1, k, g);
    var coarse := Bucket(tick, k * g);
    var q := tick / (k * g);
    assert coarse == q * k * g;
    BucketIsMultiple(q * k, g);
    assert coarse % g == 0;
    if Bucket(tick, g) < coarse {
      InRangeIffBucket(coarse, Bucket(tick, g), g);
      BucketMonotone(coarse, tick, g);
      InRangeIffBucket(coarse, coarse, g);
    }
    InRangeIffBucket(Bucket(tick, g), coarse, k * g);
  }

  /** Grouping by `g` and then by `k * g` is grouping by `k * g`, down to the cumulative figures. */
  lemma {:induction false} GroupingComposes(levels: seq<PriceLevel>, g: nat, k: nat)
    requires g > 0 && k > 0
    ensures k * g > 0 && Buckets(Buckets(levels, g), k * g) == Buckets(levels, k * g)
    ensures TotalQty(Buckets(levels, g)) == TotalQty(levels)
  {
    MulLe(1, k, g);
    if levels != [] {
      var n := |levels| - 1;
      GroupingComposes(levels[..n], g, k);
      MergeCommutes(Buckets(levels[..n], g), levels, g, k);
    }
  }

  lemma MergeCommutes(fine: seq<PriceLevel>, levels: seq<PriceLevel>, g: nat, k: nat)
    requires g > 0 && k > 0 && k * g > 0 && levels != []
    requires TotalQty(fine) == TotalQty(levels[..|levels| - 1])
    ensures var level := levels[|levels| - 1];
      var finer := Merged(fine, Bucket(level.tick, g), level.qty, TotalQty(levels));
      && TotalQty(finer) == TotalQty(levels)
      && Buckets(finer, k * g)
         == Merged(Buckets(fine, k * g), Bucket(level.tick, k * g), level.qty, TotalQty(levels))
  {
    var level, m := levels[|levels| - 1], |fine|;
    var b := Bucket(level.tick, g);
    var finer := Merged(fine, b, level.qty, TotalQty(levels));
    BucketOfBucket(level.tick, g, k);
    assert finer[..|finer| - 1] == if m > 0 && fine[m - 1].tick == b then fine[..m - 1] else fine;
  }

  lemma GroupedTwice(levels: seq<PriceLevel>, g: nat, k: nat)
    requires g > 0 && k > 0
    ensures Grouped(Grouped(levels, g), k * g) == Grouped(levels, k * g)
  {
    MulLe(1, k, g);
    if g > 1 {
      GroupingComposes(levels, g, k);
    }
  }

  // ---- The browser's mirror ----

  datatype RawLevel = RawLevel(tick: nat, qty: nat)

  function Raw(levels: seq<PriceLevel>): (r: seq<RawLevel>)
    ensures |r| == |levels|
    ensures forall i :: 0 <= i < |levels| ==> r[i].tick == levels[i].tick && r[i].qty == levels[i].qty
  {
    seq(|levels|, i requires 0 <= i < |levels| => RawLevel(levels[i].tick, levels[i].qty))
  }

  lemma RawMerged(out: seq<PriceLevel>, bucket: nat, qty: nat, cumulative: nat)
    ensures var raw, last, r := Raw(out), |out| - 1, Raw(Merged(out, bucket, qty, cumulative));
      r == if last >= 0 && raw[last].tick == bucket then raw[last := RawLevel(bucket, raw[last].qty + qty)]
           else raw + [RawLevel(bucket, qty)]
  {}

  /** One more level of the grouped prefix. */
  lemma BucketsStep(levels: seq<PriceLevel>, group: nat, i: nat)
    requires group > 0 && i < |levels|
    ensures Buckets(levels[..i + 1], group)
         == Merged(Buckets(levels[..i], group), Bucket(levels[i].tick, group), levels[i].qty, TotalQty(levels[..i + 1]))
    ensures TotalQty(levels[..i + 1]) == TotalQty(levels[..i]) + levels[i].qty
    ensures Bucket(levels[i].tick, group) == (levels[i].tick / group) * group
  {
    hide Merged;
    assert levels[..i + 1][..i] == levels[..i];
  }

  /** The browser groups raw levels to the same ticks and quantities as the server does. */
  method GroupRawLevels(levels: seq<PriceLevel>, group: nat) returns (out: seq<RawLevel>)
    ensures out == Raw(Grouped(levels, group))
  {
    hide Bucket, Buckets, Merged, Raw, TotalQty;
    if group <= 1 {
      return Raw(levels);
    }
    out := [];
    NothingRaw(group);
    for i := 0 to |levels|
      invariant out == Raw(Buckets(levels[..i], group))
    {
      BucketsStep(levels, group, i);
      RawMerged(Buckets(levels[..i], group), Bucket(levels[i].tick, group), levels[i].qty, TotalQty(levels[..i + 1]));
      var level := levels[i];
      var bucket := (level.tick / group) * group;
      var last := |out| - 1;
      if last >= 0 && out[last].tick == bucket {
        out := out[last := RawLevel(bucket, out[last].qty + level.qty)];
      } else {
        out := out + [RawLevel(bucket, level.qty)];
      }
    }
    assert levels[..|levels|] == levels;
  }

  lemma NothingRaw(group: nat)
    requires group > 0
    ensures Buckets([], group) == [] && Raw(Buckets([], group)) == [] && TotalQty([]) == 0
  {}
}
