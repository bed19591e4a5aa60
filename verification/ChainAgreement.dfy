/**
 The matcher, its cache and the chain as one step system. A sweep folds at once and submits a settlement;
 the chain confirms settlements later and in order, or loses any of them, whether the matcher notices and
 evicts the key or not. A settlement overwrites the whole position, so one that was submitted on top of a
 lost one carries the lost fills onto the chain all the same.
 */
module ChainAgreement {
  import opened Arithmetic
  import opened PositionFolding
  import opened PositionCaching
  import opened Primitives

  /**
   A submitted leg: collateral to add and parameters to overwrite with. Its history: the size its fills traded,
   and the size of the fills lost just ahead of it in the queue.
   */
  datatype Settlement = Settlement(delta: int, params: Option<SealedParams>, filled: int, lostAhead: int)

  /**
   What happened to a key. `net` and `due` are the size and the collateral of all settlements not lost, `carried` the
   size of lost fills that were ahead of a settlement confirmed since, `behind` the size of lost fills behind the
   whole queue that the cached position still has, `submitted` the parameters last submitted, and `orphaned` says
   that these were lost while the cache kept the position.
   */
  datatype History = History(net: int, due: int, carried: int, behind: int,
                             submitted: Option<SealedParams>, orphaned: bool)

  datatype System = System(cache: Cache, chain: Chain, inFlight: map<Key, seq<Settlement>>, past: map<Key, History>)

  /**
   `FailBroadcast` is a broadcast known to have failed. `Revert` is a transaction that was included but reverted: its
   receipt counts as success, so the matcher keeps its cache. `LoseReceipt` is an error after sending: the cache is
   evicted, although the settlement stays in flight and may land or revert later. Any settlement in flight may be hit.
   */
  datatype Event =
    | Trade(key: Key, legs: seq<Leg>)
    | Confirm(key: Key)
    | FailBroadcast(key: Key, index: nat)
    | Revert(key: Key, index: nat)
    | LoseReceipt(key: Key)

  function Queue(s: System, k: Key): seq<Settlement> {
    if k in s.inFlight then s.inFlight[k] else []
  }

  function Past(s: System, k: Key): History {
    if k in s.past then s.past[k] else History(0, 0, 0, 0, None, false)
  }

  /** The queue without its settlement at `i`; the next one, if any, now has that one's fills lost ahead of it. */
  function Without(q: seq<Settlement>, i: nat): seq<Settlement>
    requires i < |q|
  {
    if i + 1 == |q| then q[..i]
    else q[..i] + [q[i + 1].(lostAhead := q[i + 1].lostAhead + q[i].lostAhead + q[i].filled)] + q[i + 2..]
  }

  function Settled(c: ChainPosition, t: Settlement): ChainPosition {
    ChainPosition(c.collateral + t.delta, t.params)
  }

  predicate Enabled(s: System, e: Event) {
    match e
    case Trade(_, legs) => legs != []
    case Confirm(k) => Queue(s, k) != []
    case FailBroadcast(k, i) => i < |Queue(s, k)|
    case Revert(k, i) => i < |Queue(s, k)|
    case LoseReceipt(k) => Queue(s, k) != []
  }

  function Step(s: System, e: Event): System
    requires Enabled(s, e)
  {
    var k, q, h := e.key, Queue(s, e.key), Past(s, e.key);
    match e
    case Trade(_, legs) =>
      var r := Sweep(s.cache, s.chain, k, legs);
      var params := CachedParams(r.cache, k);
      s.(cache := r.cache,
         inFlight := s.inFlight[k := q + [Settlement(r.delta, params, NetOf(legs), h.behind)]],
         past := s.past[k := h.(net := h.net + NetOf(legs), due := h.due + r.delta, behind := 0,
                                submitted := params, orphaned := false)])
    case Confirm(_) =>
      s.(chain := s.chain[k := Settled(ChainAt(s.chain, k), q[0])],
         inFlight := s.inFlight[k := q[1..]],
         past := s.past[k := h.(carried := h.carried + q[0].lostAhead)])
    case FailBroadcast(_, i) =>
      s.(cache := s.cache - {k},
         inFlight := s.inFlight[k := Without(q, i)],
         past := s.past[k := h.(net := h.net - q[i].filled, due := h.due - q[i].delta, behind := 0, orphaned := false)])
    case Revert(_, i) =>
      var kept := k in s.cache && i + 1 == |q|;
      s.(inFlight := s.inFlight[k := Without(q, i)],
         past := s.past[k := h.(net := h.net - q[i].filled, due := h.due - q[i].delta,
                                behind := if kept then h.behind + q[i].lostAhead + q[i].filled else h.behind,
                                orphaned := h.orphaned || kept)])
    case LoseReceipt(_) =>
      s.(cache := s.cache - {k}, past := s.past[k := h.(behind := 0, orphaned := false)])
  }

  /**
   The working hypothesis: the chain is read only when nothing is in flight for the key, and no sweep passes
   through flat before its last fill. Confirmations, failures, reverts and lost receipts come as they like.
   */
  predicate Disciplined(s: System, e: Event) {
    && Enabled(s, e)
    && (e.Trade? ==>
          && (e.key !in s.cache ==> Queue(s, e.key) == [])
          && !LandsFlatEarly(SizeOf(Read(s.cache, s.chain, e.key)), e.legs))
  }

  predicate DisciplinedRun(s: System, events: seq<Event>)
    decreases |events|
  {
    events != [] ==> Disciplined(s, events[0]) && DisciplinedRun(Step(s, events[0]), events[1..])
  }

  function After(s: System, events: seq<Event>): System
    requires DisciplinedRun(s, events)
    decreases |events|
  {
    if events == [] then s else After(Step(s, events[0]), events[1..])
  }

  // ---- What holds in every state ----

  function ParamsSize(p: Option<SealedParams>): int {
    match p
    case None => 0
    case Some(s) => Directed(s.sideIsBuy, s.size)
  }

  function Filled(q: seq<Settlement>): int {
    if q == [] then 0 else q[0].filled + Filled(q[1..])
  }

  function Deltas(q: seq<Settlement>): int {
    if q == [] then 0 else q[0].delta + Deltas(q[1..])
  }

  function LostAhead(q: seq<Settlement>): int {
    if q == [] then 0 else q[0].lostAhead + LostAhead(q[1..])
  }

  /** Every settlement's parameters carry the size before it plus what was lost ahead of it and what it traded. */
  predicate Chained(size: int, q: seq<Settlement>)
    decreases |q|
  {
    q != [] ==>
      && ParamsSize(q[0].params) == size + q[0].lostAhead + q[0].filled
      && Chained(size + q[0].lostAhead + q[0].filled, q[1..])
  }

  function LastParams(s: System, k: Key): Option<SealedParams> {
    var q := Queue(s, k);
    if q == [] then ChainAt(s.chain, k).params else q[|q| - 1].params
  }

  function ChainSize(s: System, k: Key): int {
    ParamsSize(ChainAt(s.chain, k).params)
  }

  /** The size of all fills not lost, and of the lost ones a confirmed settlement carried along. */
  function Expected(s: System, k: Key): int {
    Past(s, k).net + Past(s, k).carried
  }

  /** Lost fills that a settlement in flight or the cached position still has. */
  function StillLost(s: System, k: Key): int {
    LostAhead(Queue(s, k)) + Past(s, k).behind
  }

  /** What the cache says of a key is what was last submitted, and has all fills it ever traded since it was read. */
  ghost predicate CacheAgrees(s: System, k: Key) {
    var h := Past(s, k);
    if k in s.cache then
      && s.cache[k].signedSize == Expected(s, k) + StillLost(s, k) != 0
      && h.submitted == Some(ParamsOf(s.cache[k]))
      && (!h.orphaned ==> LastParams(s, k) == h.submitted)
    else
      h.behind == 0
  }

  /** One key's part of the invariant. */
  ghost predicate KeyAgrees(s: System, k: Key) {
    && CacheAgrees(s, k)
    && Chained(ChainSize(s, k), Queue(s, k))
    && Expected(s, k) == ChainSize(s, k) + Filled(Queue(s, k))
    && Past(s, k).due == ChainAt(s.chain, k).collateral + Deltas(Queue(s, k))
  }

  ghost predicate Agrees(s: System) {
    forall k :: KeyAgrees(s, k)
  }

  /** A matcher that just started: nothing cached, nothing in flight, whatever the chain holds. */
  ghost predicate Booted(s: System) {
    && s.cache == map[] && s.inFlight == map[]
    && (forall k :: Past(s, k) == History(ChainSize(s, k), ChainAt(s.chain, k).collateral, 0, 0, None, false))
  }

  lemma BootedAgrees(s: System)
    requires Booted(s)
    ensures Agrees(s)
  {
    forall k ensures KeyAgrees(s, k) {
      assert Queue(s, k) == [];
    }
  }

  lemma {:induction false} QueueAppend(size: int, q: seq<Settlement>, t: Settlement)
    ensures Filled(q + [t]) == Filled(q) + t.filled && Deltas(q + [t]) == Deltas(q) + t.delta
    ensures LostAhead(q + [t]) == LostAhead(q) + t.lostAhead
    ensures (Chained(size, q) && ParamsSize(t.params) == size + LostAhead(q) + Filled(q) + t.lostAhead + t.filled)
            ==> Chained(size, q + [t])
    decreases |q|
  {
    if q == [] {
      assert (q + [t])[1..] == [];
    } else {
      assert (q + [t])[1..] == q[1..] + [t];
      QueueAppend(size + q[0].lostAhead + q[0].filled, q[1..], t);
    }
  }

  lemma SizeOfParams(p: Position, c: ChainPosition)
    ensures ParamsSize(Some(ParamsOf(p))) == p.signedSize
    ensures SizeOf(FromChain(c)) == ParamsSize(c.params)
  {}

  /** What a fill will be folded into has the expected size and what is still lost. */
  lemma ReadIsExpected(s: System, k: Key)
    requires KeyAgrees(s, k) && (k in s.cache || Queue(s, k) == [])
    ensures SizeOf(Read(s.cache, s.chain, k)) == Expected(s, k) + StillLost(s, k)
  {
    SizeOfParams(Flat(1), ChainAt(s.chain, k));
  }

  /** What a sweep does to its key, seen through the cache. */
  lemma SweepOutcome(s: System, e: Event)
    requires e.Trade? && Disciplined(s, e) && KeyAgrees(s, e.key)
    ensures var k, r := e.key, Sweep(s.cache, s.chain, e.key, e.legs);
      var size := Expected(s, k) + StillLost(s, k) + NetOf(e.legs);
      && ParamsSize(CachedParams(r.cache, k)) == size
      && (k in r.cache <==> size != 0) && (k in r.cache ==> r.cache[k].signedSize == size)
  {
    hide Sweep, Applied, KeyAgrees, Expected, StillLost, Read;
    var k, p := e.key, Start(s.cache, s.chain, e.key, e.legs);
    ReadIsExpected(s, k);
    SweepTelescopes(s.cache, s.chain, k, e.legs);
    FoldedSize(p, e.legs);
    SizeOfParams(Folded(p, e.legs), ChainAt(s.chain, k));
  }

  lemma TradeAgrees(s: System, e: Event)
    requires e.Trade? && Disciplined(s, e) && KeyAgrees(s, e.key)
    ensures KeyAgrees(Step(s, e), e.key)
  {
    hide Sweep, NetOf, CachedParams, Read, LandsFlatEarly;
    var k, q, h := e.key, Queue(s, e.key), Past(s, e.key);
    var r := Sweep(s.cache, s.chain, k, e.legs);
    SweepOutcome(s, e);
    CachedParamsOf(r.cache, k);
    QueueAppend(ChainSize(s, k), q, Settlement(r.delta, CachedParams(r.cache, k), NetOf(e.legs), h.behind));
  }

  lemma CachedParamsOf(cache: Cache, k: Key)
    ensures k in cache ==> CachedParams(cache, k) == Some(ParamsOf(cache[k]))
  {}

  /** Dropping a settlement shifts what was lost onto the next one, or behind the queue. */
  lemma {:induction false} DropKeepsChained(size: int, q: seq<Settlement>, i: nat)
    requires i < |q| && Chained(size, q)
    ensures Chained(size, Without(q, i))
    decreases |q|
  {
    var r := Without(q, i);
    if i > 0 {
      DropKeepsChained(size + q[0].lostAhead + q[0].filled, q[1..], i - 1);
      assert r[0] == q[0] && r[1..] == Without(q[1..], i - 1);
    } else if |q| > 1 {
      assert r[1..] == q[1..][1..];
    }
  }

  lemma {:induction false} DropMovesSums(q: seq<Settlement>, i: nat)
    requires i < |q|
    ensures var r, last := Without(q, i), i + 1 == |q|;
      && Filled(r) == Filled(q) - q[i].filled && Deltas(r) == Deltas(q) - q[i].delta
      && LostAhead(r) == LostAhead(q) + (if last then -q[i].lostAhead else q[i].filled)
      && (!last ==> r != [] && r[|r| - 1].params == q[|q| - 1].params)
    decreases |q|
  {
    var r := Without(q, i);
    if i > 0 {
      DropMovesSums(q[1..], i - 1);
      assert r[0] == q[0] && r[1..] == Without(q[1..], i - 1);
    } else if |q| > 1 {
      assert r[1..] == q[1..][1..];
    } else {
      assert q[1..] == [];
    }
  }

  lemma SettleAgrees(s: System, e: Event)
    requires !e.Trade? && Disciplined(s, e) && KeyAgrees(s, e.key)
    ensures KeyAgrees(Step(s, e), e.key)
  {
    if e.FailBroadcast? || e.Revert? {
      hide Without;
      DropKeepsChained(ChainSize(s, e.key), Queue(s, e.key), e.index);
      DropMovesSums(Queue(s, e.key), e.index);
    }
  }

  /** A step touches no key but its own. */
  lemma StepTouchesItsKey(s: System, e: Event, k: Key)
    requires Disciplined(s, e) && k != e.key
    ensures var r := Step(s, e);
      && Queue(r, k) == Queue(s, k) && Past(r, k) == Past(s, k) && ChainAt(r.chain, k) == ChainAt(s.chain, k)
      && Entry(r.cache, k) == Entry(s.cache, k)
  {
    hide Sweep, NetOf, CachedParams, Without, Disciplined;
    if e.Trade? {
      SweepFrame(s.cache, s.chain, e.key, e.legs, k);
    }
  }

  lemma StepFrame(s: System, e: Event, k: Key)
    requires Disciplined(s, e) && k != e.key && KeyAgrees(s, k)
    ensures KeyAgrees(Step(s, e), k)
  {
    hide Step, Queue, Past, ChainAt, Disciplined;
    StepTouchesItsKey(s, e, k);
  }

  lemma StepAgrees(s: System, e: Event)
    requires Agrees(s) && Disciplined(s, e)
    ensures Agrees(Step(s, e))
  {
    forall k ensures KeyAgrees(Step(s, e), k) {
      if k != e.key {
        StepFrame(s, e, k);
      } else if e.Trade? {
        TradeAgrees(s, e);
      } else {
        SettleAgrees(s, e);
      }
    }
  }

  /** Every run keeps cache, queue and chain in agreement, on every key. */
  lemma {:induction false} RunAgrees(s: System, events: seq<Event>)
    requires Agrees(s) && DisciplinedRun(s, events)
    ensures Agrees(After(s, events))
    decreases |events|
  {
    hide Agrees, Step;
    if events != [] {
      StepAgrees(s, events[0]);
      RunAgrees(Step(s, events[0]), events[1..]);
    }
  }

  /**
   From any boot state, through any failures, reverts and lost receipts: a cached position is exactly what was last
   submitted, and unless that was reverted it is what the queue ends with. Its size is that of all fills not lost, plus
   the lost ones carried along or still in flight. A chain whose queue has drained has the size of the fills not lost
   plus those carried along, but the collateral of exactly the settlements not lost.
   */
  lemma CacheAndChainAgree(s: System, events: seq<Event>, k: Key)
    requires Booted(s) && DisciplinedRun(s, events)
    ensures var t := After(s, events);
      var h, c := Past(t, k), ChainAt(t.chain, k);
      && (k in t.cache ==>
            && h.submitted == Some(ParamsOf(t.cache[k])) && (!h.orphaned ==> LastParams(t, k) == h.submitted)
            && t.cache[k].signedSize == h.net + h.carried + StillLost(t, k)
            && (t.cache[k].signedSize == h.net <==> h.carried + StillLost(t, k) == 0))
      && (Queue(t, k) == [] ==>
            && ParamsSize(c.params) == h.net + h.carried && c.collateral == h.due
            && (ParamsSize(c.params) == h.net <==> h.carried == 0))
  {
    BootedAgrees(s);
    RunAgrees(s, events);
    assert KeyAgrees(After(s, events), k);
  }

  // ---- What is carried along ----

  /**
   A failed broadcast leaves something behind only if others are queued behind it, and a reverted one also if the
   position is still cached.
   */
  predicate LosesTheLast(s: System, e: Event)
    requires Enabled(s, e)
  {
    && (e.FailBroadcast? ==> e.index + 1 == |Queue(s, e.key)|)
    && (e.Revert? ==> e.index + 1 == |Queue(s, e.key)| && e.key !in s.cache)
  }

  predicate LosesOnlyTheLast(s: System, events: seq<Event>)
    requires DisciplinedRun(s, events)
    decreases |events|
  {
    events != [] ==> LosesTheLast(s, events[0]) && LosesOnlyTheLast(Step(s, events[0]), events[1..])
  }

  predicate NothingLost(q: seq<Settlement>) {
    forall i :: 0 <= i < |q| ==> q[i].lostAhead == 0
  }

  ghost predicate CarriesNothing(s: System) {
    forall k :: Past(s, k).carried == 0 && Past(s, k).behind == 0 && NothingLost(Queue(s, k))
  }

  lemma StepCarriesNothing(s: System, e: Event)
    requires CarriesNothing(s) && Disciplined(s, e) && LosesTheLast(s, e)
    ensures CarriesNothing(Step(s, e))
  {
    hide Sweep, NetOf, CachedParams, Read, LandsFlatEarly;
    assert Past(s, e.key).carried == 0 && Past(s, e.key).behind == 0 && NothingLost(Queue(s, e.key));
    forall k
      ensures var r := Step(s, e); Past(r, k).carried == 0 && Past(r, k).behind == 0 && NothingLost(Queue(r, k))
    {
      assert Past(s, k).carried == 0 && Past(s, k).behind == 0 && NothingLost(Queue(s, k));
    }
  }

  /** As long as nothing is queued behind a lost settlement, sizes agree with the fills not lost, on every key. */
  lemma {:induction false} LosingTheLastIsHarmless(s: System, events: seq<Event>)
    requires DisciplinedRun(s, events) && LosesOnlyTheLast(s, events) && CarriesNothing(s)
    ensures CarriesNothing(After(s, events))
    decreases |events|
  {
    hide CarriesNothing, Step;
    if events != [] {
      StepCarriesNothing(s, events[0]);
      LosingTheLastIsHarmless(Step(s, events[0]), events[1..]);
    }
  }

  /**
   Losing one settlement and confirming the next leaves the chain with the lost fills, but without their collateral.
   */
  lemma LossAheadIsCarried(s: System, k: Key)
    requires KeyAgrees(s, k) && |Queue(s, k)| == 2 && LostAhead(Queue(s, k)) == 0 && Past(s, k).carried == 0
    requires Queue(s, k)[0].lostAhead == 0
    ensures Enabled(s, FailBroadcast(k, 0)) && Enabled(Step(s, FailBroadcast(k, 0)), Confirm(k))
    ensures var q, t := Queue(s, k), Step(Step(s, FailBroadcast(k, 0)), Confirm(k));
      && Queue(t, k) == []
      && ChainSize(t, k) == Past(t, k).net + q[0].filled
      && ChainAt(t.chain, k).collateral == ChainAt(s.chain, k).collateral + q[1].delta
  {
    var q, mid := Queue(s, k), Step(s, FailBroadcast(k, 0));
    assert q[1..][1..] == [];
    assert LostAhead(q) == q[0].lostAhead + (q[1].lostAhead + LostAhead(q[1..][1..]));
    SettleAgrees(s, FailBroadcast(k, 0));
    SettleAgrees(mid, Confirm(k));
  }

  /**
   A reverted last settlement changes neither cache nor chain: the cached position keeps its fills, and the next
   confirmed settlement of the key brings them onto the chain, again without their collateral.
   */
  lemma RevertIsCarried(s: System, k: Key, next: Event)
    requires KeyAgrees(s, k) && k in s.cache && |Queue(s, k)| == 1 && Past(s, k).carried == 0 && StillLost(s, k) == 0
    requires next.Trade? && next.key == k && Disciplined(Step(s, Revert(k, 0)), next)
    ensures var mid := Step(s, Revert(k, 0));
      mid.cache == s.cache && mid.chain == s.chain && Enabled(Step(mid, next), Confirm(k))
    ensures var lost, t := Queue(s, k)[0], Step(Step(Step(s, Revert(k, 0)), next), Confirm(k));
      && Queue(t, k) == []
      && ChainSize(t, k) == Past(t, k).net + lost.filled
      && ChainAt(t.chain, k).collateral == ChainAt(s.chain, k).collateral + Sweep(s.cache, s.chain, k, next.legs).delta
  {
    hide Sweep, Read, NetOf, CachedParams, LandsFlatEarly;
    var q, mid := Queue(s, k), Step(s, Revert(k, 0));
    assert q[1..] == [] && LostAhead(q) == q[0].lostAhead + LostAhead(q[1..]);
    SettleAgrees(s, Revert(k, 0));
    TradeAgrees(mid, next);
    SettleAgrees(Step(mid, next), Confirm(k));
  }

  // ---- Collateral over one episode ----

  /** How far the cached collateral is from what the chain will hold when the queue has drained. */
  function Gap(s: System, k: Key): int
    requires k in s.cache
  {
    s.cache[k].collateral - ChainAt(s.chain, k).collateral - Deltas(Queue(s, k))
  }

  /** The collateral a step loses although the cache keeps it: the delta of a reverted settlement. */
  function RevertedBy(s: System, e: Event, k: Key): int
    requires Enabled(s, e)
  {
    if e.Revert? && e.key == k then Queue(s, k)[e.index].delta else 0
  }

  lemma StepMovesGap(s: System, e: Event, k: Key)
    requires Disciplined(s, e) && KeyAgrees(s, k) && k in s.cache && k in Step(s, e).cache
    ensures Gap(Step(s, e), k) == Gap(s, k) + RevertedBy(s, e, k)
  {
    hide Sweep, Applied, CachedParams;
    if e.Trade? {
      var r := Sweep(s.cache, s.chain, e.key, e.legs);
      if e.key == k {
        SweepTelescopes(s.cache, s.chain, k, e.legs);
        QueueAppend(0, Queue(s, k), Settlement(r.delta, CachedParams(r.cache, k), NetOf(e.legs), Past(s, k).behind));
      } else {
        SweepFrame(s.cache, s.chain, e.key, e.legs, k);
      }
    } else if e.Revert? && e.key == k {
      DropMovesSums(Queue(s, k), e.index);
    }
  }

  /** The episode's gap is fixed when it opens: zero on a live chain position, minus the leftover on an empty one. */
  lemma OpeningGap(s: System, e: Event)
    requires e.Trade? && Disciplined(s, e) && e.key !in s.cache && e.key in Step(s, e).cache
    ensures var c := ChainAt(s.chain, e.key);
      Gap(Step(s, e), e.key) == if c.params == None then -c.collateral else 0
  {
    hide Sweep, Applied;
    var r := Sweep(s.cache, s.chain, e.key, e.legs);
    SweepTelescopes(s.cache, s.chain, e.key, e.legs);
    QueueAppend(0, [], Settlement(r.delta, CachedParams(r.cache, e.key), NetOf(e.legs), Past(s, e.key).behind));
    assert Queue(s, e.key) + [Settlement(r.delta, CachedParams(r.cache, e.key), NetOf(e.legs), Past(s, e.key).behind)]
        == [] + [Settlement(r.delta, CachedParams(r.cache, e.key), NetOf(e.legs), Past(s, e.key).behind)];
  }

  predicate CachedThroughout(s: System, events: seq<Event>, k: Key)
    requires DisciplinedRun(s, events)
    decreases |events|
  {
    k in s.cache && (events != [] ==> CachedThroughout(Step(s, events[0]), events[1..], k))
  }

  function Reverted(s: System, events: seq<Event>, k: Key): int
    requires DisciplinedRun(s, events)
    decreases |events|
  {
    if events == [] then 0 else RevertedBy(s, events[0], k) + Reverted(Step(s, events[0]), events[1..], k)
  }

  /** Over an episode the gap moves by exactly the reverted deltas, and is constant without reverts. */
  lemma {:induction false} GapIsConstant(s: System, events: seq<Event>, k: Key)
    requires Agrees(s) && DisciplinedRun(s, events) && CachedThroughout(s, events, k)
    ensures k in After(s, events).cache && Gap(After(s, events), k) == Gap(s, k) + Reverted(s, events, k)
    ensures (forall e | e in events :: e.key == k ==> !e.Revert?) ==> Reverted(s, events, k) == 0
    decreases |events|
  {
    hide Step, Gap;
    if events != [] {
      assert KeyAgrees(s, k);
      assert CachedThroughout(Step(s, events[0]), events[1..], k);
      StepMovesGap(s, events[0], k);
      StepAgrees(s, events[0]);
      GapIsConstant(Step(s, events[0]), events[1..], k);
    }
  }

  /**
   When the queue has drained and the last submission was not reverted, re-reading the chain gives the cached
   position, collateral shifted by the gap.
   */
  lemma DrainedChainRereads(s: System, k: Key)
    requires KeyAgrees(s, k) && k in s.cache && Queue(s, k) == [] && !Past(s, k).orphaned
    ensures FromChain(ChainAt(s.chain, k)) == Some(s.cache[k].(collateral := s.cache[k].collateral - Gap(s, k)))
  {
    SealRoundTrip(s.cache[k], ChainAt(s.chain, k).collateral);
  }

  // ---- The hypothesis is needed ----

  /**
   A sweep that misses the cache while settlements are in flight still ends with the expected size
   if and only if the fills in flight happen to add up to nothing.
   */
  lemma StaleReadIff(s: System, e: Event)
    requires e.Trade? && Enabled(s, e) && KeyAgrees(s, e.key) && e.key !in s.cache
    requires !LandsFlatEarly(ChainSize(s, e.key), e.legs)
    ensures CachedSize(Step(s, e).cache, e.key) == Expected(Step(s, e), e.key) <==> Filled(Queue(s, e.key)) == 0
  {
    hide Sweep, Applied;
    SizeOfParams(Flat(1), ChainAt(s.chain, e.key));
    SweepKeepsSizeIff(s.cache, s.chain, e.key, e.legs);
  }

  /**
   Closing a settled position flat always opens such a window: a reopening sweep before the close has settled reads
   the chain's size again, and ends wrong by exactly that size and what was still lost.
   */
  lemma ReopenBeforeSettlementIsWrong(s: System, close: Event, reopen: Event)
    requires close.Trade? && Disciplined(s, close) && KeyAgrees(s, close.key)
    requires SizeOf(Read(s.cache, s.chain, close.key)) + NetOf(close.legs) == 0
    requires reopen.Trade? && reopen.legs != [] && reopen.key == close.key
    requires !LandsFlatEarly(ChainSize(s, close.key), reopen.legs)
    ensures Enabled(Step(s, close), reopen) && close.key !in Step(s, close).cache
    ensures var t := Step(Step(s, close), reopen);
      CachedSize(t.cache, close.key) == Expected(t, close.key) + StillLost(s, close.key) + ChainSize(s, close.key)
  {
    hide Sweep, Applied;
    var k, mid := close.key, Step(s, close);
    ReadIsExpected(s, k);
    SweepOutcome(s, close);
    SizeOfParams(Flat(1), ChainAt(s.chain, k));
    SweepKeepsSizeIff(mid.cache, mid.chain, k, reopen.legs);
  }
}
